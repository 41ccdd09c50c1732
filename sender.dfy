/** The sending half of js/file-transfer.js: `sendFileWithProgress` streams a file as
    one `file-meta` message followed by `file-chunk` messages of CHUNK_SIZE bytes,
    holding back before each chunk while the channel's buffered amount is too high. */
module Sender {
  import opened Common
  import opened Protocol

  const CHUNK_SIZE: nat := 65536        // 64 * 1024
  const BUFFER_THRESHOLD: nat := 65536  // 64 * 1024

  /** `Math.ceil(size / CHUNK_SIZE)`: the fewest chunks of CHUNK_SIZE bytes that cover `size` bytes. */
  function TotalChunks(size: nat): (n: nat)
    ensures n * CHUNK_SIZE >= size
    ensures n == 0 || (n - 1) * CHUNK_SIZE < size
    ensures n == 0 <==> size == 0
  {
    (size + CHUNK_SIZE - 1) / CHUNK_SIZE
  }

  /** Chunk `k` holds the bytes `[k * CHUNK_SIZE, min(size, (k + 1) * CHUNK_SIZE))`. */
  function ChunkAt(file: seq<byte>, k: nat): seq<byte>
    requires k < TotalChunks(|file|)
  {
    file[k * CHUNK_SIZE .. Min(|file|, (k + 1) * CHUNK_SIZE)]
  }

  function ChunkList(file: seq<byte>): seq<seq<byte>>
  {
    seq(TotalChunks(|file|), k requires 0 <= k < TotalChunks(|file|) => ChunkAt(file, k))
  }

  lemma {:induction false} ChunkPrefix(file: seq<byte>, j: nat)
    requires j <= TotalChunks(|file|)
    ensures Flatten(ChunkList(file)[..j]) == file[..Min(|file|, j * CHUNK_SIZE)]
    decreases j
  {
    var chunks := ChunkList(file);
    if j > 0 {
      ChunkPrefix(file, j - 1);
      assert chunks[..j][..j - 1] == chunks[..j - 1];
      assert (j - 1) * CHUNK_SIZE < |file|;
      assert file[..(j - 1) * CHUNK_SIZE] + ChunkAt(file, j - 1) == file[..Min(|file|, j * CHUNK_SIZE)];
    }
  }

  /** The chunks partition the file: all but the last are exactly CHUNK_SIZE bytes,
      the last is non-empty and at most CHUNK_SIZE, and in index order they
      concatenate back to the file, so their lengths sum to its size. */
  lemma ChunksPartitionFile(file: seq<byte>)
    ensures Flatten(ChunkList(file)) == file
    ensures forall k :: 0 <= k < TotalChunks(|file|) - 1 ==> |ChunkAt(file, k)| == CHUNK_SIZE
    ensures TotalChunks(|file|) > 0 ==> 0 < |ChunkAt(file, TotalChunks(|file|) - 1)| <= CHUNK_SIZE
  {
    var n := TotalChunks(|file|);
    ChunkPrefix(file, n);
    assert ChunkList(file)[..n] == ChunkList(file);
    forall k | 0 <= k < n - 1
      ensures |ChunkAt(file, k)| == CHUNK_SIZE
    {
      assert (k + 1) * CHUNK_SIZE <= (n - 1) * CHUNK_SIZE;
    }
  }

  // ---------------------------------------------------------------------------
  // Backpressure. The buffered amount is read from a sequence of observations:
  // each read of `getBufferedAmount()` consumes the next one. Running out of
  // observations means the channel never drained within the observed window.

  /** The 10 ms poll: from observation `pos` on, the position just after the first
      observation strictly below the threshold, or None when there is none. */
  function Resume(buffered: seq<nat>, pos: nat): (r: Option<nat>)
    ensures r.Some? ==> pos < r.value <= |buffered| && buffered[r.value - 1] < BUFFER_THRESHOLD
    ensures r.Some? ==> forall j :: pos <= j < r.value - 1 ==> buffered[j] >= BUFFER_THRESHOLD
    ensures r.None? ==> forall j :: pos <= j < |buffered| ==> buffered[j] >= BUFFER_THRESHOLD
    decreases |buffered| - pos
  {
    if pos >= |buffered| then None
    else if buffered[pos] < BUFFER_THRESHOLD then Some(pos + 1)
    else Resume(buffered, pos + 1)
  }

  /** The gate before a chunk: one reading; above the threshold, poll until a reading
      strictly below it. The result is the position after the reading that let the
      chunk through, or None when the observations run out first. */
  function Gate(buffered: seq<nat>, pos: nat): (r: Option<nat>)
    ensures r == Some(pos + 1) <==> pos < |buffered| && buffered[pos] <= BUFFER_THRESHOLD
    ensures r.Some? ==> pos < r.value <= |buffered| && buffered[r.value - 1] <= BUFFER_THRESHOLD
    ensures r.Some? && r.value > pos + 1 ==>
              buffered[pos] > BUFFER_THRESHOLD && buffered[r.value - 1] < BUFFER_THRESHOLD &&
              forall j :: pos < j < r.value - 1 ==> buffered[j] >= BUFFER_THRESHOLD
  {
    if pos >= |buffered| then None
    else if buffered[pos] > BUFFER_THRESHOLD then Resume(buffered, pos + 1)
    else Some(pos + 1)
  }

  /** The gate stays shut exactly when there is no reading to take, or the first reading
      is above the threshold and no later one is strictly below it: as soon as the buffer
      drains below the threshold the chunk goes out. */
  lemma GateShut(buffered: seq<nat>, pos: nat)
    ensures Gate(buffered, pos).None? <==>
              (pos >= |buffered| ||
               (buffered[pos] > BUFFER_THRESHOLD &&
                forall j :: pos < j < |buffered| ==> buffered[j] >= BUFFER_THRESHOLD))
  {
  }

  function LastOr(s: seq<nat>, d: nat): nat
  {
    if s == [] then d else s[|s| - 1]
  }

  /** For the first `n` chunks, the observation position after the gate that released
      each; shorter than `n` when the sender stalls. */
  function Releases(buffered: seq<nat>, n: nat): (r: seq<nat>)
    ensures |r| <= n
    decreases n
  {
    if n == 0 then []
    else
      var prev := Releases(buffered, n - 1);
      if |prev| < n - 1 then prev
      else match Gate(buffered, LastOr(prev, 0))
        case None => prev
        case Some(p) => prev + [p]
  }

  /** Once the sender stalls it sends nothing more. */
  lemma {:induction false} StalledStaysStalled(buffered: seq<nat>, m: nat, n: nat)
    requires m <= n && |Releases(buffered, m)| < m
    ensures Releases(buffered, n) == Releases(buffered, m)
    decreases n - m
  {
    if n > m {
      StalledStaysStalled(buffered, m, n - 1);
    }
  }

  /** The gate between observation positions `start` and `release`: the reading that let
      the chunk through was at most the threshold; when the first reading was above it,
      the releasing reading was strictly below it and every reading in between at or
      above it. */
  predicate GateRespected(buffered: seq<nat>, start: nat, release: nat)
  {
    start < release <= |buffered| &&
    buffered[release - 1] <= BUFFER_THRESHOLD &&
    (release > start + 1 ==>
       buffered[start] > BUFFER_THRESHOLD && buffered[release - 1] < BUFFER_THRESHOLD &&
       forall j :: start < j < release - 1 ==> buffered[j] >= BUFFER_THRESHOLD)
  }

  /** Where the gate for chunk k starts reading: the observation after chunk k - 1's release. */
  function GateStart(r: seq<nat>, k: nat): nat
    requires k < |r|
  {
    if k == 0 then 0 else r[k - 1]
  }

  predicate AllGatesRespected(buffered: seq<nat>, r: seq<nat>)
  {
    forall k :: 0 <= k < |r| ==> GateRespected(buffered, GateStart(r, k), r[k])
  }

  /** A gate that opens respects the threshold. */
  lemma GateIsRespected(buffered: seq<nat>, start: nat)
    requires Gate(buffered, start).Some?
    ensures GateRespected(buffered, start, Gate(buffered, start).value)
  {
  }

  /** The gate computed after the releases so far respects the threshold, so the
      extended release list does too. */
  lemma GatesStep(buffered: seq<nat>, prev: seq<nat>, g: nat)
    requires AllGatesRespected(buffered, prev)
    requires Gate(buffered, LastOr(prev, 0)) == Some(g)
    ensures AllGatesRespected(buffered, prev + [g])
  {
    var r := prev + [g];
    forall k | 0 <= k < |r|
      ensures GateRespected(buffered, GateStart(r, k), r[k])
    {
      if k < |prev| {
        assert GateRespected(buffered, GateStart(prev, k), prev[k]);
        assert r[k] == prev[k] && GateStart(r, k) == GateStart(prev, k);
      } else {
        if k == 0 {
          assert prev == [];
        } else {
          assert r[k - 1] == prev[|prev| - 1];
        }
        assert GateStart(r, k) == LastOr(prev, 0);
        GateIsRespected(buffered, LastOr(prev, 0));
      }
    }
  }

  /** Backpressure: every chunk is let through by a gate that respects the threshold,
      each gate starting at the observation after the previous chunk's release, so
      readings are consumed in order. */
  lemma {:induction false} ReleasesRespectThreshold(buffered: seq<nat>, n: nat)
    ensures AllGatesRespected(buffered, Releases(buffered, n))
    decreases n
  {
    if n > 0 {
      ReleasesRespectThreshold(buffered, n - 1);
      var prev := Releases(buffered, n - 1);
      var g := Gate(buffered, LastOr(prev, 0));
      if |prev| == n - 1 && g.Some? {
        GatesStep(buffered, prev, g.value);
      }
    }
  }

  // ---------------------------------------------------------------------------
  // Progress

  /** `Math.min(100, Math.round(offset / size * 100))` on exact rationals:
      rounding half up is floor((200 * offset + size) / (2 * size)). */
  function Percent(offset: nat, size: nat): (p: nat)
    requires size > 0
    ensures p <= 100
    ensures offset >= size ==> p == 100
  {
    if offset >= size then
      DivAtLeast(200 * offset + size, 2 * size, 100);
      Min(100, (200 * offset + size) / (2 * size))
    else
      Min(100, (200 * offset + size) / (2 * size))
  }

  lemma DivAtLeast(x: nat, d: nat, m: nat)
    requires d > 0 && x >= m * d
    ensures x / d >= m
  {
    var q := x / d;
    assert x == d * q + x % d;
    if q < m {
      MulLe(q + 1, m, d);
      assert false;
    }
  }

  lemma MulLe(a: nat, b: nat, d: nat)
    requires a <= b
    ensures a * d <= b * d
  {
  }

  /** The arithmetic of one loop step: the offset of chunk k is inside the file exactly
      when k is below the chunk count, and the next offset is one chunk further. */
  lemma OffsetStep(size: nat, k: nat)
    ensures k * CHUNK_SIZE < size <==> k < TotalChunks(size)
    ensures (k + 1) * CHUNK_SIZE == k * CHUNK_SIZE + CHUNK_SIZE
  {
  }

  /** The percents shown after the first `m` chunks: after chunk number c (1-based)
      when c is a multiple of 5 or the offset has reached the size. */
  function Reports(size: nat, m: nat): seq<nat>
    requires m <= TotalChunks(size)
  {
    if m == 0 then []
    else Reports(size, m - 1) +
         (if m % 5 == 0 || m * CHUNK_SIZE >= size then [Percent(m * CHUNK_SIZE, size)] else [])
  }

  /** Every shown percent is at most 100, and a finished transfer shows 100 last. */
  lemma {:induction false} ReportsBounded(size: nat, m: nat)
    requires m <= TotalChunks(size)
    ensures forall i :: 0 <= i < |Reports(size, m)| ==> Reports(size, m)[i] <= 100
    ensures m == TotalChunks(size) && size > 0 ==>
              |Reports(size, m)| > 0 && Reports(size, m)[|Reports(size, m)| - 1] == 100
    decreases m
  {
    if m > 0 {
      ReportsBounded(size, m - 1);
    }
  }

  // ---------------------------------------------------------------------------
  // The messages

  function MetaFor(fileId: string, name: string, fileType: string, file: seq<byte>): FileMeta
  {
    FileMeta(fileId, name, |file|, fileType, TotalChunks(|file|))
  }

  /** Everything a completed send hands to the send callback, in order. */
  function Plan(fileId: string, name: string, fileType: string, file: seq<byte>): seq<Message>
  {
    [MetaMsg(MetaFor(fileId, name, fileType, file))] +
    seq(TotalChunks(|file|), k requires 0 <= k < TotalChunks(|file|) => ChunkMsg(fileId, k, Binary(ChunkAt(file, k))))
  }

  /** The plan is one `file-meta` message followed by chunks 0, 1, ..., totalChunks - 1,
      whose payloads concatenate to the file; a zero-byte file sends only the metadata. */
  lemma PlanShape(fileId: string, name: string, fileType: string, file: seq<byte>)
    ensures var p := Plan(fileId, name, fileType, file);
      |p| == TotalChunks(|file|) + 1 && p[0] == MetaMsg(MetaFor(fileId, name, fileType, file)) &&
      (forall i :: 1 <= i < |p| ==> p[i].ChunkMsg? && p[i].fileId == fileId && p[i].chunkIndex == i - 1 &&
                                    p[i].data == Binary(ChunkList(file)[i - 1])) &&
      Flatten(ChunkList(file)) == file
    ensures |file| == 0 ==> Plan(fileId, name, fileType, file) == [MetaMsg(MetaFor(fileId, name, fileType, file))]
  {
    ChunksPartitionFile(file);
  }

  /** One backpressure check, as the loop body performs it: read the buffered amount;
      above the threshold, wait and read again until a reading strictly below it. */
  method AwaitGate(buffered: seq<nat>, start: nat) returns (gate: Option<nat>)
    ensures gate == Gate(buffered, start)
  {
    if start >= |buffered| {
      return None;
    }
    if buffered[start] <= BUFFER_THRESHOLD {
      return Some(start + 1);
    }
    var pos := start + 1;
    while pos < |buffered| && !(buffered[pos] < BUFFER_THRESHOLD)
      invariant start < pos <= |buffered|
      invariant Resume(buffered, pos) == Gate(buffered, start)
      decreases |buffered| - pos
    {
      pos := pos + 1;
    }
    gate := if pos < |buffered| then Some(pos + 1) else None;
  }

  /** The messages a send loop has passed on after releasing k chunks: the metadata,
      then chunks 0 .. k - 1. */
  function Sent(fileId: string, name: string, fileType: string, file: seq<byte>, k: nat): seq<Message>
    requires k <= TotalChunks(|file|)
  {
    if k == 0 then [MetaMsg(MetaFor(fileId, name, fileType, file))]
    else Sent(fileId, name, fileType, file, k - 1) + [ChunkMsg(fileId, k - 1, Binary(ChunkAt(file, k - 1)))]
  }

  /** After k released chunks, what was sent is the first k + 1 messages of the plan. */
  lemma {:induction false} SentIsPlanPrefix(fileId: string, name: string, fileType: string, file: seq<byte>, k: nat)
    requires k <= TotalChunks(|file|)
    ensures Sent(fileId, name, fileType, file, k) == Plan(fileId, name, fileType, file)[..k + 1]
    decreases k
  {
    var p := Plan(fileId, name, fileType, file);
    if k == 0 {
      assert p[..1] == [p[0]];
    } else {
      SentIsPlanPrefix(fileId, name, fileType, file, k - 1);
      assert p[k] == ChunkMsg(fileId, k - 1, Binary(ChunkAt(file, k - 1)));
      assert p[..k + 1] == p[..k] + [p[k]];
    }
  }

  /** What one iteration of the send loop adds, once chunk k's gate has opened at `g`:
      the release list grows by `g`, the message list by the slice the loop reads, and
      the progress list by the report for chunk k + 1, if any. */
  lemma SendStep(fileId: string, name: string, fileType: string, file: seq<byte>, buffered: seq<nat>,
                 k: nat, g: nat)
    requires k < TotalChunks(|file|) && |Releases(buffered, k)| == k
    requires Gate(buffered, LastOr(Releases(buffered, k), 0)) == Some(g)
    ensures Releases(buffered, k + 1) == Releases(buffered, k) + [g]
    ensures k * CHUNK_SIZE < |file| && (k + 1) * CHUNK_SIZE == k * CHUNK_SIZE + CHUNK_SIZE
    ensures file[k * CHUNK_SIZE .. Min(|file|, k * CHUNK_SIZE + CHUNK_SIZE)] == ChunkAt(file, k)
    ensures Reports(|file|, k + 1) == Reports(|file|, k) +
              if (k + 1) % 5 == 0 || k * CHUNK_SIZE + CHUNK_SIZE >= |file|
              then [Percent(k * CHUNK_SIZE + CHUNK_SIZE, |file|)] else []
  {
    OffsetStep(|file|, k);
  }

  /** A gate that never opens before chunk k stops the sender for good: the releases
      stay those of the first k chunks. */
  lemma Stall(buffered: seq<nat>, k: nat, n: nat)
    requires k < n && |Releases(buffered, k)| == k
    requires Gate(buffered, LastOr(Releases(buffered, k), 0)).None?
    ensures Releases(buffered, n) == Releases(buffered, k)
  {
    StalledStaysStalled(buffered, k + 1, n);
  }

  /** One iteration of the send loop for chunk k at `offset`: the backpressure check,
      the slice read, the send and the throttled progress update. `ok` is false when
      the gate never opens within the observations; then nothing more is ever sent. */
  method SendNext(fileId: string, name: string, fileType: string, file: seq<byte>, buffered: seq<nat>,
                  k: nat, offset: nat, sent: seq<Message>, releases: seq<nat>, progress: seq<nat>)
    returns (ok: bool, sent': seq<Message>, releases': seq<nat>, progress': seq<nat>)
    requires k < TotalChunks(|file|) && offset == k * CHUNK_SIZE
    requires releases == Releases(buffered, k) && |releases| == k
    requires sent == Sent(fileId, name, fileType, file, k) && progress == Reports(|file|, k)
    ensures ok ==> releases' == Releases(buffered, k + 1) && |releases'| == k + 1 &&
                   sent' == Sent(fileId, name, fileType, file, k + 1) && progress' == Reports(|file|, k + 1)
    ensures !ok ==> Releases(buffered, TotalChunks(|file|)) == releases &&
                    releases' == releases && sent' == sent && progress' == progress
  {
    // 1. backpressure check
    var gate := AwaitGate(buffered, LastOr(releases, 0));
    if gate.None? {
      Stall(buffered, k, TotalChunks(|file|));
      return false, sent, releases, progress;
    }
    SendStep(fileId, name, fileType, file, buffered, k, gate.value);
    // 2. read the next chunk, 3. send it
    var chunk := file[offset .. Min(|file|, offset + CHUNK_SIZE)];
    assert chunk == ChunkAt(file, k);
    sent' := sent + [ChunkMsg(fileId, k, Binary(chunk))];
    releases' := releases + [gate.value];
    // 4. throttled progress, on the advanced offset and index
    progress' := progress;
    if (k + 1) % 5 == 0 || offset + CHUNK_SIZE >= |file| {
      progress' := progress + [Percent(offset + CHUNK_SIZE, |file|)];
    }
    ok := true;
  }

  /** sendFileWithProgress(file, connection, sendFn): the messages passed to `sendFn`
      in order, the release position of each chunk's gate, the progress percents shown,
      and whether the loop ran to the end. The file id is the caller's. */
  method SendFile(fileId: string, name: string, fileType: string, file: seq<byte>, buffered: seq<nat>)
    returns (sent: seq<Message>, releases: seq<nat>, progress: seq<nat>, completed: bool)
    ensures releases == Releases(buffered, TotalChunks(|file|))
    ensures completed <==> |releases| == TotalChunks(|file|)
    ensures sent == Plan(fileId, name, fileType, file)[..1 + |releases|]
    ensures progress == Reports(|file|, |releases|)
  {
    var total := TotalChunks(|file|);
    sent := [MetaMsg(FileMeta(fileId, name, |file|, fileType, total))];
    releases, progress := [], [];
    var offset, chunkIndex := 0, 0;
    completed := true;
    while offset < |file|
      invariant chunkIndex <= total && offset == chunkIndex * CHUNK_SIZE
      invariant releases == Releases(buffered, chunkIndex) && |releases| == chunkIndex
      invariant sent == Sent(fileId, name, fileType, file, chunkIndex)
      invariant progress == Reports(|file|, chunkIndex)
      invariant completed
      decreases |file| - offset
    {
      OffsetStep(|file|, chunkIndex);
      var ok;
      ok, sent, releases, progress := SendNext(fileId, name, fileType, file, buffered,
                                               chunkIndex, offset, sent, releases, progress);
      if !ok {
        completed := false;
        break;
      }
      offset := offset + CHUNK_SIZE;
      chunkIndex := chunkIndex + 1;
    }
    if completed {
      OffsetStep(|file|, chunkIndex);
    }
    SentIsPlanPrefix(fileId, name, fileType, file, chunkIndex);
  }
}
