/** End-to-end properties of the receiver: the chunks the sender produces, delivered
    once each in any order, rebuild the file exactly; the legacy path rebuilds a file
    from its binary messages in arrival order. */
module Reassembly {
  import opened Common
  import opened Protocol
  import opened Sender
  import opened Receiver

  /** Deliver `chunks[order[0]]`, `chunks[order[1]]`, ... for one file id, collecting
      the outcome of each delivery. */
  function Deliver(files: map<string, Entry>, fileId: string, chunks: seq<seq<byte>>, order: seq<nat>)
    : (map<string, Entry>, seq<ChunkOutcome>)
    requires forall i :: 0 <= i < |order| ==> order[i] < |chunks|
  {
    if order == [] then (files, [])
    else
      var prev := Deliver(files, fileId, chunks, order[..|order| - 1]);
      var k := order[|order| - 1];
      var step := AcceptChunk(prev.0, fileId, k, chunks[k]);
      (step.0, prev.1 + [step.1])
  }

  /** Delivering one more chunk is one more AcceptChunk on the state reached so far. */
  lemma DeliverSnoc(files: map<string, Entry>, fileId: string, chunks: seq<seq<byte>>, order: seq<nat>, idx: nat)
    requires forall i :: 0 <= i < |order| ==> order[i] < |chunks|
    requires idx < |chunks|
    ensures var prev := Deliver(files, fileId, chunks, order);
            var step := AcceptChunk(prev.0, fileId, idx, chunks[idx]);
            Deliver(files, fileId, chunks, order + [idx]) == (step.0, prev.1 + [step.1])
  {
    assert (order + [idx])[..|order|] == order;
  }

  /** n copies of x. */
  function Repeat<T>(x: T, n: nat): (r: seq<T>)
    ensures |r| == n && forall i :: 0 <= i < n ==> r[i] == x
  {
    if n == 0 then [] else Repeat(x, n - 1) + [x]
  }

  predicate Distinct(s: seq<nat>)
  {
    forall i, j :: 0 <= i < j < |s| ==> s[i] != s[j]
  }

  /** The slots after the chunks at the indexes in `prefix` have been stored. */
  function SlotsOf(chunks: seq<seq<byte>>, prefix: seq<nat>): (m: map<nat, seq<byte>>)
    requires forall i :: 0 <= i < |prefix| ==> prefix[i] < |chunks|
    ensures forall i :: i in m <==> i in prefix
    ensures forall i :: i in m ==> i < |chunks| && m[i] == chunks[i]
  {
    if prefix == [] then map[]
    else
      var k := prefix[|prefix| - 1];
      SlotsOf(chunks, prefix[..|prefix| - 1])[k := chunks[k]]
  }

  /** Distinct indexes fill as many slots as there are indexes. */
  lemma {:induction false} SlotCount(chunks: seq<seq<byte>>, prefix: seq<nat>)
    requires forall i :: 0 <= i < |prefix| ==> prefix[i] < |chunks|
    requires Distinct(prefix)
    ensures |SlotsOf(chunks, prefix).Keys| == |prefix|
  {
    if prefix != [] {
      var p, k := prefix[..|prefix| - 1], prefix[|prefix| - 1];
      SlotCount(chunks, p);
      assert k !in p;
      assert SlotsOf(chunks, prefix).Keys == SlotsOf(chunks, p).Keys + {k};
    }
  }

  lemma SubsetCard<T>(a: set<T>, b: set<T>)
    requires a <= b
    ensures |a| <= |b|
  {
    assert b == a + (b - a);
  }

  /** The indexes 0 .. n - 1. */
  function Range(n: nat): (r: set<nat>)
    ensures forall i :: i in r <==> 0 <= i < n
    ensures |r| == n
  {
    if n == 0 then {} else Range(n - 1) + {n - 1}
  }

  /** |chunks| distinct indexes below |chunks| fill every slot. */
  lemma FullCover(chunks: seq<seq<byte>>, order: seq<nat>)
    requires |order| == |chunks| && Distinct(order)
    requires forall i :: 0 <= i < |order| ==> order[i] < |chunks|
    ensures forall i :: 0 <= i < |chunks| ==> i in SlotsOf(chunks, order)
  {
    var n := |chunks|;
    var keys := SlotsOf(chunks, order).Keys;
    SlotCount(chunks, order);
    forall i | 0 <= i < n
      ensures i in keys
    {
      if i !in keys {
        MissingSlot(keys, n, i);
        assert false;
      }
    }
  }

  /** A set of indexes below n that misses one of them has fewer than n elements. */
  lemma MissingSlot(keys: set<nat>, n: nat, i: nat)
    requires forall k :: k in keys ==> k < n
    requires i < n && i !in keys
    ensures |keys| < n
  {
    var rest := Range(n) - {i};
    assert |rest| == n - 1 by {
      assert Range(n) == rest + {i};
    }
    SubsetCard(keys, rest);
  }

  /** While fewer than totalChunks distinct chunks have come in, the entry holds exactly
      them and nothing else in the table differs from before the metadata arrived. */
  ghost predicate Midway(files: map<string, Entry>, meta: FileMeta, chunks: seq<seq<byte>>, prefix: seq<nat>,
                   state: map<string, Entry>)
    requires forall i :: 0 <= i < |prefix| ==> prefix[i] < |chunks|
  {
    meta.fileId in state && state[meta.fileId].Chunked? && state[meta.fileId].meta == meta &&
    state[meta.fileId].slots == SlotsOf(chunks, prefix) && state[meta.fileId].length <= |chunks| &&
    (forall i :: i in prefix ==> i < state[meta.fileId].length) &&
    (forall id :: id != meta.fileId ==> (id in state <==> id in files) && (id in files ==> state[id] == files[id]))
  }

  /** Storing chunk idx in a midway entry keeps it midway, one index further. */
  lemma MidwayStore(files: map<string, Entry>, meta: FileMeta, chunks: seq<seq<byte>>, prev: seq<nat>, idx: nat,
                    state: map<string, Entry>)
    requires idx < |chunks| && forall i :: 0 <= i < |prev| ==> prev[i] < |chunks|
    requires Midway(files, meta, chunks, prev, state)
    ensures SlotsOf(chunks, prev + [idx]) == state[meta.fileId].slots[idx := chunks[idx]]
    ensures Midway(files, meta, chunks, prev + [idx],
                   state[meta.fileId := Chunked(meta, state[meta.fileId].slots[idx := chunks[idx]],
                                                Max(state[meta.fileId].length, idx + 1),
                                                state[meta.fileId].receivedBytes + |chunks[idx]|)])
  {
    assert (prev + [idx])[..|prev|] == prev;
  }

  /** AcceptChunk on a chunked entry whose new slot count stays below totalChunks. */
  lemma StoringChunk(state: map<string, Entry>, fileId: string, idx: nat, data: seq<byte>)
    requires fileId in state && state[fileId].Chunked?
    requires |state[fileId].slots[idx := data].Keys| < state[fileId].meta.totalChunks
    ensures AcceptChunk(state, fileId, idx, data) ==
            (state[fileId := Chunked(state[fileId].meta, state[fileId].slots[idx := data],
                                     Max(state[fileId].length, idx + 1), state[fileId].receivedBytes + |data|)],
             Stored)
  {
  }

  /** Right after the metadata, the entry is midway with nothing stored. */
  lemma StartMidway(files: map<string, Entry>, meta: FileMeta, chunks: seq<seq<byte>>)
    ensures Midway(files, meta, chunks, [], StartChunked(files, meta))
  {
  }

  /** Storing a chunk that leaves a slot empty keeps the entry midway, one index further. */
  lemma StoreStep(files: map<string, Entry>, meta: FileMeta, chunks: seq<seq<byte>>, q: seq<nat>, idx: nat,
                  state: map<string, Entry>)
    requires |chunks| == meta.totalChunks && idx < |chunks|
    requires forall i :: 0 <= i < |q| ==> q[i] < |chunks|
    requires |SlotsOf(chunks, q + [idx]).Keys| < |chunks|
    requires Midway(files, meta, chunks, q, state)
    ensures AcceptChunk(state, meta.fileId, idx, chunks[idx]).1 == Stored
    ensures Midway(files, meta, chunks, q + [idx], AcceptChunk(state, meta.fileId, idx, chunks[idx]).0)
  {
    MidwayStore(files, meta, chunks, q, idx, state);
    StoringChunk(state, meta.fileId, idx, chunks[idx]);
  }

  /** One more distinct chunk, short of the last, is stored and keeps the entry midway. */
  lemma DeliverStep(files: map<string, Entry>, meta: FileMeta, chunks: seq<seq<byte>>, q: seq<nat>, idx: nat)
    requires |chunks| == meta.totalChunks && idx < |chunks|
    requires forall i :: 0 <= i < |q| ==> q[i] < |chunks|
    requires |SlotsOf(chunks, q + [idx]).Keys| < |chunks|
    requires Midway(files, meta, chunks, q, Deliver(StartChunked(files, meta), meta.fileId, chunks, q).0)
    requires Deliver(StartChunked(files, meta), meta.fileId, chunks, q).1 == Repeat(Stored, |q|)
    ensures Midway(files, meta, chunks, q + [idx], Deliver(StartChunked(files, meta), meta.fileId, chunks, q + [idx]).0)
    ensures Deliver(StartChunked(files, meta), meta.fileId, chunks, q + [idx]).1 == Repeat(Stored, |q| + 1)
  {
    var prev := Deliver(StartChunked(files, meta), meta.fileId, chunks, q);
    DeliverSnoc(StartChunked(files, meta), meta.fileId, chunks, q, idx);
    StoreStep(files, meta, chunks, q, idx, prev.0);
  }

  lemma {:induction false} DeliverMidway(files: map<string, Entry>, meta: FileMeta, chunks: seq<seq<byte>>,
                                         p: seq<nat>)
    requires |chunks| == meta.totalChunks && |p| < |chunks| && Distinct(p)
    requires forall i :: 0 <= i < |p| ==> p[i] < |chunks|
    ensures Midway(files, meta, chunks, p, Deliver(StartChunked(files, meta), meta.fileId, chunks, p).0)
    ensures Deliver(StartChunked(files, meta), meta.fileId, chunks, p).1 == Repeat(Stored, |p|)
    decreases |p|
  {
    if p == [] {
      StartMidway(files, meta, chunks);
    } else {
      var q, idx := p[..|p| - 1], p[|p| - 1];
      DeliverMidway(files, meta, chunks, q);
      SlotCount(chunks, p);
      assert p == q + [idx];
      DeliverStep(files, meta, chunks, q, idx);
    }
  }

  /** AcceptChunk on a chunked entry whose new slot count reaches totalChunks. */
  lemma CompletingChunk(state: map<string, Entry>, fileId: string, idx: nat, data: seq<byte>)
    requires fileId in state && state[fileId].Chunked?
    requires |state[fileId].slots[idx := data].Keys| >= state[fileId].meta.totalChunks
    ensures AcceptChunk(state, fileId, idx, data) ==
            (state - {fileId}, Completed(state[fileId].meta,
               Flatten(Parts(state[fileId].slots[idx := data], Max(state[fileId].length, idx + 1)))))
  {
  }

  /** With every index below n filled, the parts are the chunks themselves. */
  lemma NoHoles(chunks: seq<seq<byte>>, slots: map<nat, seq<byte>>)
    requires forall i :: 0 <= i < |chunks| ==> i in slots && slots[i] == chunks[i]
    ensures Parts(slots, |chunks|) == chunks
  {
  }

  /** The last delivery raises the array length to exactly totalChunks. */
  lemma FinalLength(chunks: seq<seq<byte>>, order: seq<nat>, prefix: seq<nat>, length: nat)
    requires 0 < |order| == |chunks| && prefix == order[..|order| - 1]
    requires forall i :: 0 <= i < |order| ==> order[i] < |chunks|
    requires forall i :: 0 <= i < |chunks| ==> i in SlotsOf(chunks, order)
    requires length <= |chunks| && forall i :: i in prefix ==> i < length
    ensures Max(length, order[|order| - 1] + 1) == |chunks|
  {
    var n, idx := |order|, order[|order| - 1];
    assert n - 1 in SlotsOf(chunks, order);
    if n - 1 != idx {
      assert order == prefix + [idx];
      assert n - 1 in prefix;
    }
  }

  /** When the last empty slot is filled: the slots are the chunks' slots, the length is
      totalChunks, there are no holes, and deleting the entry restores the table. */
  lemma LastSlot(files: map<string, Entry>, meta: FileMeta, chunks: seq<seq<byte>>, order: seq<nat>,
                 state: map<string, Entry>)
    requires |chunks| == meta.totalChunks == |order| > 0
    requires forall i :: 0 <= i < |order| ==> order[i] < |chunks|
    requires forall i :: 0 <= i < |chunks| ==> i in SlotsOf(chunks, order)
    requires Midway(files, meta, chunks, order[..|order| - 1], state)
    ensures state[meta.fileId].slots[order[|order| - 1] := chunks[order[|order| - 1]]] == SlotsOf(chunks, order)
    ensures Max(state[meta.fileId].length, order[|order| - 1] + 1) == |chunks|
    ensures Parts(SlotsOf(chunks, order), |chunks|) == chunks
    ensures state - {meta.fileId} == files - {meta.fileId}
  {
    var q, idx := order[..|order| - 1], order[|order| - 1];
    assert order == q + [idx];
    MidwayStore(files, meta, chunks, q, idx, state);
    FinalLength(chunks, order, q, state[meta.fileId].length);
    NoHoles(chunks, SlotsOf(chunks, order));
    MidwayDelete(files, meta, chunks, q, state);
  }

  /** Deleting a midway entry leaves the table as it was before the metadata. */
  lemma MidwayDelete(files: map<string, Entry>, meta: FileMeta, chunks: seq<seq<byte>>, q: seq<nat>,
                     state: map<string, Entry>)
    requires forall i :: 0 <= i < |q| ==> q[i] < |chunks|
    requires Midway(files, meta, chunks, q, state)
    ensures state - {meta.fileId} == files - {meta.fileId}
  {
  }

  /** The chunk that fills the last empty slot completes the transfer with the chunks
      concatenated in index order and deletes the entry. */
  lemma CompleteStep(files: map<string, Entry>, meta: FileMeta, chunks: seq<seq<byte>>, order: seq<nat>,
                     state: map<string, Entry>)
    requires |chunks| == meta.totalChunks == |order| > 0
    requires forall i :: 0 <= i < |order| ==> order[i] < |chunks|
    requires |SlotsOf(chunks, order).Keys| == |order|
    requires forall i :: 0 <= i < |chunks| ==> i in SlotsOf(chunks, order)
    requires Midway(files, meta, chunks, order[..|order| - 1], state)
    ensures AcceptChunk(state, meta.fileId, order[|order| - 1], chunks[order[|order| - 1]]) ==
            (files - {meta.fileId}, Completed(meta, Flatten(chunks)))
  {
    LastSlot(files, meta, chunks, order, state);
    CompletingChunk(state, meta.fileId, order[|order| - 1], chunks[order[|order| - 1]]);
  }

  /** Delivering the whole order, given that its slots end up covering every index. */
  lemma DeliverAll(files: map<string, Entry>, meta: FileMeta, chunks: seq<seq<byte>>, order: seq<nat>)
    requires |chunks| == meta.totalChunks == |order| > 0
    requires forall i :: 0 <= i < |order| ==> order[i] < |chunks|
    requires |SlotsOf(chunks, order).Keys| == |order|
    requires forall i :: 0 <= i < |chunks| ==> i in SlotsOf(chunks, order)
    requires Midway(files, meta, chunks, order[..|order| - 1],
                    Deliver(StartChunked(files, meta), meta.fileId, chunks, order[..|order| - 1]).0)
    requires Deliver(StartChunked(files, meta), meta.fileId, chunks, order[..|order| - 1]).1 == Repeat(Stored, |order| - 1)
    ensures Deliver(StartChunked(files, meta), meta.fileId, chunks, order) ==
            (files - {meta.fileId}, Repeat(Stored, |order| - 1) + [Completed(meta, Flatten(chunks))])
  {
    var prev := Deliver(StartChunked(files, meta), meta.fileId, chunks, order[..|order| - 1]);
    CompleteStep(files, meta, chunks, order, prev.0);
  }

  /** Any chunks, one per slot, delivered once each in any order: all but the last are
      stored and the last completes with the chunks joined in index order. */
  lemma DeliverPermutation(files: map<string, Entry>, meta: FileMeta, chunks: seq<seq<byte>>, order: seq<nat>)
    requires |chunks| == meta.totalChunks == |order| > 0 && Distinct(order)
    requires forall i :: 0 <= i < |order| ==> order[i] < |chunks|
    ensures Deliver(StartChunked(files, meta), meta.fileId, chunks, order) ==
            (files - {meta.fileId}, Repeat(Stored, |order| - 1) + [Completed(meta, Flatten(chunks))])
  {
    DeliverMidway(files, meta, chunks, order[..|order| - 1]);
    SlotCount(chunks, order);
    FullCover(chunks, order);
    DeliverAll(files, meta, chunks, order);
  }

  /** Reassembly is exact: after the metadata for a non-empty file, delivering each of the
      sender's chunks once, in any order, stores every chunk but the last; the last
      completes the transfer with the original bytes, and the entry is deleted while
      every other entry is as it was. */
  lemma ReassemblyInAnyOrder(files: map<string, Entry>, meta: FileMeta, file: seq<byte>, order: seq<nat>)
    requires |file| > 0 && meta.totalChunks == TotalChunks(|file|)
    requires |order| == meta.totalChunks && Distinct(order)
    requires forall i :: 0 <= i < |order| ==> order[i] < |order|
    ensures Deliver(StartChunked(files, meta), meta.fileId, ChunkList(file), order).0 == files - {meta.fileId}
    ensures Deliver(StartChunked(files, meta), meta.fileId, ChunkList(file), order).1 ==
            Repeat(Stored, |order| - 1) + [Completed(meta, file)]
  {
    var chunks := ChunkList(file);
    DeliverPermutation(files, meta, chunks, order);
    ChunksPartitionFile(file);
  }

  // ---------------------------------------------------------------------------
  // The legacy path

  /** Feed binary messages to the current legacy transfer, collecting the outcomes. */
  function Feed(files: map<string, Entry>, currentId: Option<string>, parts: seq<seq<byte>>)
    : (map<string, Entry>, Option<string>, seq<BinaryOutcome>)
  {
    if parts == [] then (files, currentId, [])
    else
      var prev := Feed(files, currentId, parts[..|parts| - 1]);
      var step := AcceptBinary(prev.0, prev.1, parts[|parts| - 1]);
      (step.0, step.1, prev.2 + [step.2])
  }

  /** Every proper prefix of the parts is shorter than the whole when the last part is non-empty. */
  lemma PrefixShorter(parts: seq<seq<byte>>, k: nat)
    requires k < |parts| && |parts[|parts| - 1]| > 0
    ensures |Flatten(parts[..k])| < |Flatten(parts)|
  {
    var p, rest := parts[..k], parts[k..];
    assert parts == p + rest;
    FlattenAppend(p, rest);
    assert rest[|rest| - 1] == parts[|parts| - 1];
  }

  /** A binary message that does not yet reach the announced size is buffered. */
  lemma AppendStep(files: map<string, Entry>, lm: LegacyMeta, buffer: seq<seq<byte>>, data: seq<byte>)
    requires lm.id != "" && |Flatten(buffer + [data])| < lm.size
    ensures AcceptBinary(files[lm.id := Legacy(lm, buffer, |Flatten(buffer)|)], Some(lm.id), data) ==
            (files[lm.id := Legacy(lm, buffer + [data], |Flatten(buffer + [data])|)], Some(lm.id), Appended)
  {
    assert (buffer + [data])[..|buffer|] == buffer;
    var entry := Legacy(lm, buffer + [data], |Flatten(buffer + [data])|);
    assert files[lm.id := Legacy(lm, buffer, |Flatten(buffer)|)][lm.id := entry] == files[lm.id := entry];
  }

  /** The state of the legacy transfer after the first k parts, short of the last. */
  function Buffered(files: map<string, Entry>, lm: LegacyMeta, parts: seq<seq<byte>>, k: nat)
    : (map<string, Entry>, Option<string>, seq<BinaryOutcome>)
    requires k <= |parts|
  {
    (files[lm.id := Legacy(lm, parts[..k], |Flatten(parts[..k])|)], Some(lm.id), Repeat(Appended, k))
  }

  lemma FeedStep(files: map<string, Entry>, lm: LegacyMeta, parts: seq<seq<byte>>, k: nat)
    requires lm.id != "" && 0 < k < |parts| && |parts[|parts| - 1]| > 0 && lm.size == |Flatten(parts)|
    requires Feed(StartLegacy(files, lm).0, Some(lm.id), parts[..k - 1]) == Buffered(files, lm, parts, k - 1)
    ensures Feed(StartLegacy(files, lm).0, Some(lm.id), parts[..k]) == Buffered(files, lm, parts, k)
  {
    var prefix := parts[..k - 1];
    assert parts[..k][..k - 1] == prefix;
    assert prefix + [parts[k - 1]] == parts[..k];
    PrefixShorter(parts, k);
    AppendStep(files, lm, prefix, parts[k - 1]);
  }

  lemma {:induction false} FeedPrefix(files: map<string, Entry>, lm: LegacyMeta, parts: seq<seq<byte>>, k: nat)
    requires lm.id != "" && k < |parts| && |parts[|parts| - 1]| > 0 && lm.size == |Flatten(parts)|
    ensures Feed(StartLegacy(files, lm).0, Some(lm.id), parts[..k]) == Buffered(files, lm, parts, k)
  {
    if k == 0 {
      assert parts[..0] == [];
    } else {
      FeedPrefix(files, lm, parts, k - 1);
      FeedStep(files, lm, parts, k);
    }
  }

  /** A binary message that reaches the announced size finishes the transfer. */
  lemma FinishStep(files: map<string, Entry>, lm: LegacyMeta, buffer: seq<seq<byte>>, data: seq<byte>)
    requires lm.id != "" && |Flatten(buffer + [data])| >= lm.size
    ensures AcceptBinary(files[lm.id := Legacy(lm, buffer, |Flatten(buffer)|)], Some(lm.id), data) ==
            (files - {lm.id}, None, Finished(lm, Flatten(buffer + [data])))
  {
    assert (buffer + [data])[..|buffer|] == buffer;
    assert files[lm.id := Legacy(lm, buffer, |Flatten(buffer)|)] - {lm.id} == files - {lm.id};
  }

  /** The legacy transfer: after a `meta` message announcing exactly the bytes that follow,
      the binary messages are buffered in arrival order and the last one (non-empty)
      hands over their concatenation, removes the entry and clears the current id. */
  lemma LegacyReassembly(files: map<string, Entry>, lm: LegacyMeta, parts: seq<seq<byte>>)
    requires lm.id != "" && |parts| > 0 && |parts[|parts| - 1]| > 0 && lm.size == |Flatten(parts)|
    ensures Feed(StartLegacy(files, lm).0, Some(lm.id), parts) ==
            (files - {lm.id}, None, Repeat(Appended, |parts| - 1) + [Finished(lm, Flatten(parts))])
  {
    var n := |parts|;
    FeedPrefix(files, lm, parts, n - 1);
    assert parts[..n - 1] + [parts[n - 1]] == parts;
    FinishStep(files, lm, parts[..n - 1], parts[n - 1]);
  }
}
