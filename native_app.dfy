/** The offline page of js/native-app.js: the Base64 helpers that carry binary chunk
    payloads over a text channel, the packet wrapping of the send callback in
    `processFileToSend`, and `handleDataChannelMessage`, which routes every incoming
    frame to the file receiver, the legacy transfer, video signalling or chat. */
module NativeApp {
  import opened Common
  import opened Protocol
  import opened Base64
  import opened InfoPanel
  import opened Sender
  import opened Receiver

  // ---------------------------------------------------------------------------
  // Base64 helpers

  /** The binary string has one character per byte, whose code is that byte. */
  lemma BinaryStringCodes(b: seq<byte>)
    ensures |BinaryString(b)| == |b| && IsBinaryString(BinaryString(b))
    ensures forall i :: 0 <= i < |b| ==> BinaryString(b)[i] as int == b[i]
    ensures CharCodes(BinaryString(b)) == b
  {
  }

  /** arrayBufferToBase64: build the binary string byte by byte, then `btoa` it. */
  method ArrayBufferToBase64(buffer: seq<byte>) returns (text: string)
    ensures text == Encode(buffer)
  {
    var binary := "";
    var i := 0;
    while i < |buffer|
      invariant 0 <= i <= |buffer|
      invariant binary == BinaryString(buffer[..i])
    {
      binary := binary + [buffer[i] as char];
      i := i + 1;
    }
    assert buffer[..i] == buffer;
    BinaryStringCodes(buffer);
    text := Btoa(binary).value;
  }

  /** base64ToArrayBuffer: `atob`, then copy each character code into a fresh byte
      array. None where `atob` throws. */
  method Base64ToArrayBuffer(base64: string) returns (r: Option<seq<byte>>)
    ensures r == Decode(base64)
  {
    var decoded := Atob(base64);
    if decoded.None? {
      return None;
    }
    var binary := decoded.value;
    var len := |binary|;
    var bytes := new byte[len];
    for i := 0 to len
      invariant forall j :: 0 <= j < i ==> bytes[j] == binary[j] as int
    {
      bytes[i] := binary[i] as int;
    }
    assert bytes[..] == CharCodes(binary);
    return Some(bytes[..]);
  }

  // ---------------------------------------------------------------------------
  // The send callback of processFileToSend

  /** What the callback hands to `dc.send`: a `file-chunk` object with binary data goes
      as the same record with its data in Base64 and `isBase64: true`; any other object
      is serialised as it is; a primitive is sent raw. */
  function Wrap(o: Outgoing): (f: Frame)
    ensures o.Primitive? <==> f.TextFrame?
    ensures f.JsonFrame? ==> !(f.msg.ChunkMsg? && f.msg.data.Binary?)
  {
    match o
    case Primitive(text) => TextFrame(text)
    case Object(msg) =>
      if msg.ChunkMsg? && msg.data.Binary? then
        JsonFrame(ChunkMsg(msg.fileId, msg.chunkIndex, Base64Text(Encode(msg.data.bytes))))
      else JsonFrame(msg)
  }

  function WrapAll(ms: seq<Message>): (fs: seq<Frame>)
    ensures |fs| == |ms|
  {
    seq(|ms|, i requires 0 <= i < |ms| => Wrap(Object(ms[i])))
  }

  // ---------------------------------------------------------------------------
  // Routing an incoming frame

  /** What an incoming frame is, once parsed (and a flagged chunk decoded). */
  datatype Incoming =
    | ChatIn                                                      // not JSON, JSON of another type, or a throw inside the try
    | VideoIn(kind: string)                                       // a type starting with "video-"
    | FileMetaIn(meta: FileMeta)
    | ChunkIn(fileId: string, chunkIndex: nat, bytes: seq<byte>)
    | LegacyMetaIn(legacy: LegacyMeta)
    | BinaryIn(bytes: seq<byte>)

  /** The chunk payload the chunk handler receives: a flagged string is decoded first;
      None where the decode throws. */
  function ChunkBytes(data: ChunkData): Option<seq<byte>>
  {
    match data
    case Binary(bytes) => Some(bytes)
    case Base64Text(text) => Decode(text)
  }

  /** The chunk handler gets back the bytes that were sent, whether they travelled as
      Base64 text or as binary. */
  lemma ChunkBytesRoundTrip(b: seq<byte>)
    ensures ChunkBytes(Base64Text(Encode(b))) == Some(b)
    ensures ChunkBytes(Binary(b)) == Some(b)
  {
    Base64RoundTrip(b);
  }

  /** The branch handleDataChannelMessage takes for a frame, before any state is read. */
  function Classify(f: Frame): Incoming
  {
    match f
    case TextFrame(_) => ChatIn
    case BinaryFrame(bytes) => BinaryIn(bytes)
    case JsonFrame(msg) =>
      match msg
      case LegacyMetaMsg(lm) => LegacyMetaIn(lm)
      case MetaMsg(meta) => FileMetaIn(meta)
      case ChunkMsg(fileId, chunkIndex, data) =>
        (match ChunkBytes(data)
         case None => ChatIn
         case Some(bytes) => ChunkIn(fileId, chunkIndex, bytes))
      case OtherMsg(kind) => if kind != "" && StartsWith(kind, "video-") then VideoIn(kind) else ChatIn
  }

  /** The adapter is transparent: every message the chunked sender produces reaches the
      receiving side's handlers exactly as it was sent; its chunk bytes survive the
      Base64 round trip. */
  lemma WrapThenClassify(m: Message)
    requires IsSenderMessage(m)
    ensures m.MetaMsg? ==> Classify(Wrap(Object(m))) == FileMetaIn(m.meta)
    ensures m.ChunkMsg? ==> Classify(Wrap(Object(m))) == ChunkIn(m.fileId, m.chunkIndex, m.data.bytes)
  {
    if m.ChunkMsg? {
      Base64RoundTrip(m.data.bytes);
    }
  }

  /** A chunk the sender produced, once wrapped and sent, is handled on arrival exactly
      as handleIncomingFileChunk would handle the original bytes, unless its file id
      names a legacy entry (then the frame ends up as chat). */
  lemma DispatchSenderChunk(files: map<string, Entry>, currentId: Option<string>, m: Message)
    requires IsSenderMessage(m) && m.ChunkMsg?
    ensures var d := Dispatch(files, currentId, Wrap(Object(m)));
            var a := AcceptChunk(files, m.fileId, m.chunkIndex, m.data.bytes);
            if m.fileId in files && files[m.fileId].Legacy? then d == (files, currentId, Chat)
            else d == (a.0, currentId, ChunkHandled(a.1))
  {
    WrapThenClassify(m);
  }

  /** How a frame was handled. */
  datatype Handled =
    | Chat                                   // logged as a peer message, counted in msgRecv
    | Video(kind: string)                    // passed to NativeVideo.handleSignal
    | MetaInstalled                          // handleIncomingFileMeta
    | ChunkHandled(chunk: ChunkOutcome)      // handleIncomingFileChunk returned normally
    | LegacyStarted                          // legacy `meta`: entry created, now current
    | BinaryHandled(binary: BinaryOutcome)   // the binary branch

  /** The try block around handleIncomingFileChunk: a chunk for a legacy entry throws
      and the catch treats the frame as chat, leaving the table as it was. */
  function DeliverChunk(files: map<string, Entry>, currentId: Option<string>, fileId: string, chunkIndex: nat,
                        bytes: seq<byte>): (r: (map<string, Entry>, Option<string>, Handled))
    ensures r.1 == currentId
    ensures r.2.Chat? <==> fileId in files && files[fileId].Legacy?
    ensures r.2.Chat? ==> r.0 == files
    ensures !r.2.Chat? ==> r.2 == ChunkHandled(AcceptChunk(files, fileId, chunkIndex, bytes).1) &&
                           r.0 == AcceptChunk(files, fileId, chunkIndex, bytes).0
  {
    var a := AcceptChunk(files, fileId, chunkIndex, bytes);
    if a.1.Threw? then (files, currentId, Chat) else (a.0, currentId, ChunkHandled(a.1))
  }

  /** handleDataChannelMessage as a transition of `incomingFiles` and its current id.
      A chunk whose entry is a legacy one throws inside the try and is treated as chat. */
  function Dispatch(files: map<string, Entry>, currentId: Option<string>, f: Frame)
    : (r: (map<string, Entry>, Option<string>, Handled))
    ensures r.2.Chat? || r.2.Video? ==> r.0 == files && r.1 == currentId
    ensures !Classify(f).LegacyMetaIn? && !Classify(f).BinaryIn? ==> r.1 == currentId
    ensures r.2.ChunkHandled? ==> !r.2.chunk.Threw?
  {
    match Classify(f)
    case ChatIn => (files, currentId, Chat)
    case VideoIn(kind) => (files, currentId, Video(kind))
    case FileMetaIn(meta) => (StartChunked(files, meta), currentId, MetaInstalled)
    case ChunkIn(fileId, chunkIndex, bytes) => DeliverChunk(files, currentId, fileId, chunkIndex, bytes)
    case LegacyMetaIn(lm) =>
      var s := StartLegacy(files, lm);
      (s.0, s.1, LegacyStarted)
    case BinaryIn(bytes) =>
      var a := AcceptBinary(files, currentId, bytes);
      (a.0, a.1, BinaryHandled(a.2))
  }

  /** Chat is exactly: text that is not a JSON object, JSON of an unknown type (not a
      video signal), a flagged chunk whose Base64 does not decode, or a chunk addressed
      to a legacy entry. */
  lemma ChatCases(files: map<string, Entry>, currentId: Option<string>, f: Frame)
    ensures Dispatch(files, currentId, f).2.Chat? <==>
              f.TextFrame? ||
              (f.JsonFrame? && f.msg.OtherMsg? && !(f.msg.kind != "" && StartsWith(f.msg.kind, "video-"))) ||
              (f.JsonFrame? && f.msg.ChunkMsg? && ChunkBytes(f.msg.data).None?) ||
              (f.JsonFrame? && f.msg.ChunkMsg? && ChunkBytes(f.msg.data).Some? &&
               f.msg.fileId in files && files[f.msg.fileId].Legacy?)
  {
  }

  /** The counters after a handled frame: chat counts one received message; a completed
      chunked or legacy transfer counts one received file of its announced size. */
  function Counted(s: Stats, h: Handled): Stats
  {
    match h
    case Chat => s.(msgRecv := s.msgRecv + 1)
    case ChunkHandled(Completed(meta, _)) => s.(filesRecv := s.filesRecv + 1, bytesRecv := s.bytesRecv + meta.size)
    case BinaryHandled(Finished(lm, _)) => s.(filesRecv := s.filesRecv + 1, bytesRecv := s.bytesRecv + lm.size)
    case _ => s
  }

  /** The activity log after a handled frame. */
  function Logged(logs: seq<LogEntry>, h: Handled, time: string): seq<LogEntry>
  {
    match h
    case Chat => PushLog(logs, LogEntry(time, Info, "Pesan diterima"))
    case ChunkHandled(Completed(meta, _)) => PushLog(logs, LogEntry(time, Success, "File diterima: " + meta.name))
    case BinaryHandled(Finished(lm, _)) => PushLog(logs, LogEntry(time, Success, "File diterima: " + lm.name))
    case _ => logs
  }

  // ---------------------------------------------------------------------------
  // The page

  /** The page's state: `incomingFiles`, `infoState`, the data channel's readiness and
      everything handed to `dc.send` so far. */
  class NativePage {
    const registry: Registry
    const info: InfoState
    var channelOpen: bool
    var outbox: seq<Frame>

    constructor (channelOpen: bool)
      ensures fresh(registry) && fresh(info)
      ensures registry.files == map[] && registry.currentId == None
      ensures info.Valid() && info.stats == ZeroStats && info.logs == []
      ensures this.channelOpen == channelOpen && outbox == []
    {
      registry := new Registry();
      info := new InfoState();
      this.channelOpen := channelOpen;
      outbox := [];
    }

    /** handleDataChannelMessage. */
    method HandleDataChannelMessage(f: Frame, time: string) returns (handled: Handled)
      requires info.Valid()
      modifies registry, info
      ensures (registry.files, registry.currentId, handled) == Dispatch(old(registry.files), old(registry.currentId), f)
      ensures info.Valid()
      ensures info.stats == Counted(old(info.stats), handled)
      ensures info.logs == Logged(old(info.logs), handled, time)
    {
      match f {
        case TextFrame(_) =>
          info.TrackMsgRecv(time);
          handled := Chat;
        case BinaryFrame(bytes) =>
          var outcome := registry.OnBinary(bytes, time, info);
          handled := BinaryHandled(outcome);
        case JsonFrame(msg) =>
          match msg {
            case LegacyMetaMsg(lm) =>
              registry.OnLegacyMeta(lm);
              handled := LegacyStarted;
            case MetaMsg(meta) =>
              registry.OnFileMeta(meta);
              handled := MetaInstalled;
            case ChunkMsg(fileId, chunkIndex, data) =>
              handled := HandleFileChunk(fileId, chunkIndex, data, time);
            case OtherMsg(kind) =>
              if kind != "" && StartsWith(kind, "video-") {
                handled := Video(kind);
              } else {
                info.TrackMsgRecv(time);
                handled := Chat;
              }
          }
      }
    }

    /** The `file-chunk` branch: decode a flagged payload, then handleIncomingFileChunk; a
        throw on the way (undecodable Base64, a legacy entry) lands in the chat catch. */
    method HandleFileChunk(fileId: string, chunkIndex: nat, data: ChunkData, time: string) returns (handled: Handled)
      requires info.Valid()
      modifies registry, info
      ensures (registry.files, registry.currentId, handled) ==
              Dispatch(old(registry.files), old(registry.currentId), JsonFrame(ChunkMsg(fileId, chunkIndex, data)))
      ensures info.Valid()
      ensures info.stats == Counted(old(info.stats), handled)
      ensures info.logs == Logged(old(info.logs), handled, time)
    {
      var bytes: Option<seq<byte>>;
      if data.Base64Text? {
        bytes := Base64ToArrayBuffer(data.text);
      } else {
        bytes := Some(data.bytes);
      }
      if bytes.None? {
        info.TrackMsgRecv(time);
        return Chat;
      }
      handled := HandleDecodedChunk(fileId, chunkIndex, bytes.value, time);
    }

    /** handleIncomingFileChunk inside the dispatcher's try: a throw is caught as chat. */
    method HandleDecodedChunk(fileId: string, chunkIndex: nat, bytes: seq<byte>, time: string) returns (handled: Handled)
      requires info.Valid()
      modifies registry, info
      ensures (registry.files, registry.currentId, handled) ==
              DeliverChunk(old(registry.files), old(registry.currentId), fileId, chunkIndex, bytes)
      ensures info.Valid()
      ensures info.stats == Counted(old(info.stats), handled)
      ensures info.logs == Logged(old(info.logs), handled, time)
    {
      var outcome := registry.OnFileChunk(fileId, chunkIndex, bytes, time, info);
      if outcome.Threw? {
        info.TrackMsgRecv(time);
        handled := Chat;
      } else {
        handled := ChunkHandled(outcome);
      }
    }

    /** The send callback: wrap, then `dc.send`. */
    method SendPacket(o: Outgoing)
      modifies this
      ensures outbox == old(outbox) + [Wrap(o)]
      ensures channelOpen == old(channelOpen)
    {
      if o.Object? && o.msg.ChunkMsg? && o.msg.data.Binary? {
        var base64Data := ArrayBufferToBase64(o.msg.data.bytes);
        outbox := outbox + [JsonFrame(ChunkMsg(o.msg.fileId, o.msg.chunkIndex, Base64Text(base64Data)))];
      } else if o.Object? {
        outbox := outbox + [JsonFrame(o.msg)];
      } else {
        outbox := outbox + [TextFrame(o.text)];
      }
    }

    /** The messages of a send, each passed through the send callback in order. */
    method SendAll(ms: seq<Message>)
      modifies this
      ensures outbox == old(outbox) + WrapAll(ms)
      ensures channelOpen == old(channelOpen)
    {
      for i := 0 to |ms|
        invariant outbox == old(outbox) + WrapAll(ms[..i])
        invariant channelOpen == old(channelOpen)
      {
        assert ms[..i + 1] == ms[..i] + [ms[i]];
        SendPacket(Object(ms[i]));
      }
      assert ms[..|ms|] == ms;
    }

    /** processFileToSend: refuse when the channel is not open; otherwise stream the file
        with sendFileWithProgress through the wrapping callback and, once the loop has
        run to the end, count the file as sent. */
    method ProcessFileToSend(fileId: string, name: string, fileType: string, file: seq<byte>,
                             buffered: seq<nat>, time: string) returns (completed: bool)
      requires info.Valid()
      modifies this, info
      ensures info.Valid() && channelOpen == old(channelOpen)
      ensures !old(channelOpen) ==>
                !completed && outbox == old(outbox) && info.stats == old(info.stats) && info.logs == old(info.logs)
      ensures old(channelOpen) ==>
                var released := |Releases(buffered, TotalChunks(|file|))|;
                outbox == old(outbox) + WrapAll(Plan(fileId, name, fileType, file)[..1 + released]) &&
                (completed <==> released == TotalChunks(|file|))
      ensures old(channelOpen) && completed ==>
                info.stats == old(info.stats).(filesSent := old(info.stats).filesSent + 1,
                                               bytesSent := old(info.stats).bytesSent + |file|) &&
                info.logs == PushLog(old(info.logs), LogEntry(time, Success, "File terkirim: " + name))
      ensures old(channelOpen) && !completed ==> info.stats == old(info.stats) && info.logs == old(info.logs)
    {
      if !channelOpen {
        return false;
      }
      var sent, releases, progress;
      sent, releases, progress, completed := SendFile(fileId, name, fileType, file, buffered);
      SendAll(sent);
      if completed {
        info.TrackFileSent(time, name, |file|);
      }
    }
  }
}
