/** The receiving half: the `incomingFiles` table of js/file-transfer.js, filled by
    `handleIncomingFileMeta` / `handleIncomingFileChunk`, and the legacy
    "current transfer" entries that `handleDataChannelMessage` in js/native-app.js
    keeps in the same table. */
module Receiver {
  import opened Common
  import opened Protocol
  import InfoPanel

  /** One value of `incomingFiles`. A chunked entry's `chunks` array is sparse: `slots`
      holds the filled indexes and `length` is the array's JavaScript `length` (one past
      the highest index written). */
  datatype Entry =
    | Chunked(meta: FileMeta, slots: map<nat, seq<byte>>, length: nat, receivedBytes: nat)
    | Legacy(legacy: LegacyMeta, buffer: seq<seq<byte>>, received: int)

  /** What `new Blob(chunks)` makes of a hole in the array: the string "undefined",
      written out as its UTF-8 bytes. */
  const UndefinedText: seq<byte> := [117, 110, 100, 101, 102, 105, 110, 101, 100]

  /** The parts `new Blob` receives: slot i, or the text of `undefined` for a hole. */
  function Parts(slots: map<nat, seq<byte>>, length: nat): seq<seq<byte>>
  {
    seq(length, i requires 0 <= i < length => if i in slots then slots[i] else UndefinedText)
  }

  /** The reassembled file: the parts concatenated in index order. */
  function Assemble(slots: map<nat, seq<byte>>, length: nat): seq<byte>
  {
    Flatten(Parts(slots, length))
  }

  // ---------------------------------------------------------------------------
  // Chunked transfers

  /** handleIncomingFileMeta: install, or replace, the entry for the file id with no
      chunks and nothing received. */
  function StartChunked(files: map<string, Entry>, meta: FileMeta): (r: map<string, Entry>)
    ensures meta.fileId in r && r[meta.fileId] == Chunked(meta, map[], 0, 0)
    ensures forall id :: id != meta.fileId ==> (id in r <==> id in files) && (id in files ==> r[id] == files[id])
  {
    files[meta.fileId := Chunked(meta, map[], 0, 0)]
  }

  datatype ChunkOutcome =
    | Orphan                                          // no entry: the chunk is dropped
    | Stored                                          // slotted, file not yet complete
    | Completed(meta: FileMeta, artifact: seq<byte>)  // last slot filled: the Blob, entry deleted
    | Threw                                           // the entry is a legacy one: `chunks` is undefined

  /** handleIncomingFileChunk: slot the payload at its index and count its bytes; once the
      number of filled slots reaches `totalChunks`, concatenate the slots and delete the entry. */
  function AcceptChunk(files: map<string, Entry>, fileId: string, index: nat, data: seq<byte>)
    : (map<string, Entry>, ChunkOutcome)
  {
    if fileId !in files then (files, Orphan)
    else match files[fileId]
      case Legacy(_, _, _) => (files, Threw)
      case Chunked(meta, slots, length, receivedBytes) =>
        var slots' := slots[index := data];
        var length' := Max(length, index + 1);
        if |slots'.Keys| >= meta.totalChunks then
          (files - {fileId}, Completed(meta, Assemble(slots', length')))
        else
          (files[fileId := Chunked(meta, slots', length', receivedBytes + |data|)], Stored)
  }

  /** What handleIncomingFileChunk does to the table: an unknown id is a no-op; a legacy
      entry makes it throw; otherwise the chunk is slotted at its index (a duplicate
      overwrites its slot) and its bytes counted, and the transfer completes exactly when
      the filled slots reach totalChunks, handing over the slots joined in index order
      and deleting the entry. No other entry ever changes. */
  lemma AcceptChunkSpec(files: map<string, Entry>, fileId: string, index: nat, data: seq<byte>)
    ensures fileId !in files ==> AcceptChunk(files, fileId, index, data) == (files, Orphan)
    ensures fileId in files && files[fileId].Legacy? ==> AcceptChunk(files, fileId, index, data) == (files, Threw)
    ensures var r := AcceptChunk(files, fileId, index, data);
            forall id :: id != fileId ==> (id in r.0 <==> id in files) && (id in files ==> r.0[id] == files[id])
    ensures var r := AcceptChunk(files, fileId, index, data);
            r.1.Stored? <==> fileId in r.0 && fileId in files && files[fileId].Chunked?
    ensures var r := AcceptChunk(files, fileId, index, data);
            r.1.Stored? ==>
              var old_ := files[fileId];
              var e := r.0[fileId];
              e.Chunked? && e.meta == old_.meta && e.slots == old_.slots[index := data] &&
              e.length == Max(old_.length, index + 1) &&
              e.receivedBytes == old_.receivedBytes + |data| && |e.slots.Keys| < e.meta.totalChunks
    ensures var r := AcceptChunk(files, fileId, index, data);
            r.1.Completed? <==> fileId in files && files[fileId].Chunked? && fileId !in r.0
    ensures var r := AcceptChunk(files, fileId, index, data);
            r.1.Completed? ==>
              var old_ := files[fileId];
              r.0 == files - {fileId} && r.1.meta == old_.meta &&
              |old_.slots[index := data].Keys| >= old_.meta.totalChunks &&
              r.1.artifact == Assemble(old_.slots[index := data], Max(old_.length, index + 1))
  {
  }

  // ---------------------------------------------------------------------------
  // Legacy transfers

  /** The `meta` message: a legacy entry with an empty buffer, which becomes current. */
  function StartLegacy(files: map<string, Entry>, lm: LegacyMeta): (r: (map<string, Entry>, Option<string>))
    ensures lm.id in r.0 && r.0[lm.id] == Legacy(lm, [], 0) && r.1 == Some(lm.id)
    ensures forall id :: id != lm.id ==> (id in r.0 <==> id in files) && (id in files ==> r.0[id] == files[id])
  {
    (files[lm.id := Legacy(lm, [], 0)], Some(lm.id))
  }

  datatype BinaryOutcome =
    | Ignored                                        // no current transfer, or its entry is gone
    | Appended                                       // buffered, more bytes expected
    | Finished(legacy: LegacyMeta, artifact: seq<byte>)  // enough bytes: the Blob, entry deleted
    | Rejected                                       // current entry is a chunked one: `buffer` is undefined

  /** A current id that JavaScript treats as present: `null`/`undefined` and "" are falsy. */
  predicate IsCurrent(currentId: Option<string>, files: map<string, Entry>)
  {
    currentId.Some? && currentId.value != "" && currentId.value in files
  }

  /** The binary branch of handleDataChannelMessage: append to the current transfer and,
      once `received >= meta.size`, hand the joined buffer over, delete the entry and clear
      the current id. */
  function AcceptBinary(files: map<string, Entry>, currentId: Option<string>, data: seq<byte>)
    : (r: (map<string, Entry>, Option<string>, BinaryOutcome))
    ensures !IsCurrent(currentId, files) ==> r == (files, currentId, Ignored)
    ensures IsCurrent(currentId, files) && files[currentId.value].Chunked? ==> r == (files, currentId, Rejected)
    ensures r.2.Appended? ==>
              var id := currentId.value;
              IsCurrent(currentId, files) && files[id].Legacy? &&
              r.0 == files[id := Legacy(files[id].legacy, files[id].buffer + [data], files[id].received + |data|)] &&
              files[id].received + |data| < files[id].legacy.size && r.1 == currentId
    ensures r.2.Finished? ==>
              var id := currentId.value;
              IsCurrent(currentId, files) && files[id].Legacy? &&
              r.0 == files - {id} && r.1 == None && files[id].received + |data| >= files[id].legacy.size &&
              r.2 == Finished(files[id].legacy, Flatten(files[id].buffer + [data]))
    ensures IsCurrent(currentId, files) && files[currentId.value].Legacy? ==> r.2.Appended? || r.2.Finished?
  {
    if !IsCurrent(currentId, files) then (files, currentId, Ignored)
    else
      var id := currentId.value;
      match files[id]
      case Chunked(_, _, _, _) => (files, currentId, Rejected)
      case Legacy(lm, buffer, received) =>
        var buffer' := buffer + [data];
        var received' := received + |data|;
        if received' >= lm.size then (files - {id}, None, Finished(lm, Flatten(buffer')))
        else (files[id := Legacy(lm, buffer', received')], currentId, Appended)
  }

  // ---------------------------------------------------------------------------
  // The table itself

  /** `incomingFiles`, with its `currentId` property kept apart from the file entries. */
  class Registry {
    var files: map<string, Entry>
    var currentId: Option<string>

    constructor ()
      ensures files == map[] && currentId == None
    {
      files := map[];
      currentId := None;
    }

    /** handleIncomingFileMeta. */
    method OnFileMeta(meta: FileMeta)
      modifies this
      ensures files == StartChunked(old(files), meta) && currentId == old(currentId)
    {
      files := files[meta.fileId := Chunked(meta, map[], 0, 0)];
    }

    /** handleIncomingFileChunk, including its call to trackFileRecv on completion. */
    method OnFileChunk(fileId: string, index: nat, data: seq<byte>, time: string, info: InfoPanel.InfoState)
      returns (outcome: ChunkOutcome)
      requires info.Valid()
      modifies this, info
      ensures (files, outcome) == AcceptChunk(old(files), fileId, index, data) && currentId == old(currentId)
      ensures info.Valid()
      ensures outcome.Completed? ==>
                info.stats == old(info.stats).(filesRecv := old(info.stats).filesRecv + 1,
                                               bytesRecv := old(info.stats).bytesRecv + outcome.meta.size) &&
                info.logs == InfoPanel.PushLog(old(info.logs), InfoPanel.LogEntry(time, InfoPanel.Success, "File diterima: " + outcome.meta.name))
      ensures !outcome.Completed? ==> info.stats == old(info.stats) && info.logs == old(info.logs)
    {
      if fileId !in files {
        return Orphan;
      }
      var entry := files[fileId];
      if entry.Legacy? {
        return Threw;
      }
      var slots := entry.slots[index := data];
      var length := Max(entry.length, index + 1);
      var receivedBytes := entry.receivedBytes + |data|;
      if |slots.Keys| >= entry.meta.totalChunks {
        var combined := Assemble(slots, length);
        info.TrackFileRecv(time, entry.meta.name, entry.meta.size);
        files := files - {fileId};
        outcome := Completed(entry.meta, combined);
      } else {
        files := files[fileId := Chunked(entry.meta, slots, length, receivedBytes)];
        outcome := Stored;
      }
    }

    /** The `meta` branch of handleDataChannelMessage. */
    method OnLegacyMeta(lm: LegacyMeta)
      modifies this
      ensures (files, currentId) == StartLegacy(old(files), lm)
    {
      files := files[lm.id := Legacy(lm, [], 0)];
      currentId := Some(lm.id);
    }

    /** The binary branch of handleDataChannelMessage, including trackFileRecv. */
    method OnBinary(data: seq<byte>, time: string, info: InfoPanel.InfoState) returns (outcome: BinaryOutcome)
      requires info.Valid()
      modifies this, info
      ensures (files, currentId, outcome) == AcceptBinary(old(files), old(currentId), data)
      ensures info.Valid()
      ensures outcome.Finished? ==>
                info.stats == old(info.stats).(filesRecv := old(info.stats).filesRecv + 1,
                                               bytesRecv := old(info.stats).bytesRecv + outcome.legacy.size) &&
                info.logs == InfoPanel.PushLog(old(info.logs), InfoPanel.LogEntry(time, InfoPanel.Success, "File diterima: " + outcome.legacy.name))
      ensures !outcome.Finished? ==> info.stats == old(info.stats) && info.logs == old(info.logs)
    {
      if currentId.None? || currentId.value == "" || currentId.value !in files {
        return Ignored;
      }
      var id := currentId.value;
      var task := files[id];
      if task.Chunked? {
        return Rejected;
      }
      var buffer := task.buffer + [data];
      var received := task.received + |data|;
      if received >= task.legacy.size {
        outcome := Finished(task.legacy, Flatten(buffer));
        files := files - {id};
        currentId := None;
        info.TrackFileRecv(time, task.legacy.name, task.legacy.size);
      } else {
        files := files[id := Legacy(task.legacy, buffer, received)];
        outcome := Appended;
      }
    }
  }
}
