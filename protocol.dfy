/** The message shapes the two peers exchange over the data channel. A JSON object
    is modelled by the variant of Message its `type` field selects; JSON.stringify
    and JSON.parse become building and taking apart that value. */
module Protocol {
  import opened Common

  /** The `file-meta` record: `{type, fileId, name, size, fileType, totalChunks}`. */
  datatype FileMeta = FileMeta(fileId: string, name: string, size: nat, fileType: string, totalChunks: nat)

  /** The `data` field of a `file-chunk`: an ArrayBuffer, or a string that the
      record flags with `isBase64: true`. */
  datatype ChunkData = Binary(bytes: seq<byte>) | Base64Text(text: string)

  /** The `data` record of the legacy `meta` message: `{id, name, size, type}`. */
  datatype LegacyMeta = LegacyMeta(id: string, name: string, size: int, mimeType: string)

  datatype Message =
    | MetaMsg(meta: FileMeta)                                       // type 'file-meta'
    | ChunkMsg(fileId: string, chunkIndex: nat, data: ChunkData)    // type 'file-chunk'
    | LegacyMetaMsg(legacy: LegacyMeta)                             // type 'meta'
    | OtherMsg(kind: string)                                        // any other object; kind is its `type`, "" when absent

  /** The argument handed to the send callback: an object, or a primitive sent as it is. */
  datatype Outgoing = Object(msg: Message) | Primitive(text: string)

  /** One message event on the channel: text holding a serialised object, text that
      is not a JSON object (JSON.parse throws or yields no object), or binary data. */
  datatype Frame = JsonFrame(msg: Message) | TextFrame(text: string) | BinaryFrame(bytes: seq<byte>)

  /** A message the chunked sender itself produces: metadata, or a chunk holding raw bytes. */
  predicate IsSenderMessage(m: Message)
  {
    m.MetaMsg? || (m.ChunkMsg? && m.data.Binary?)
  }

  /** True when `prefix` starts `s` (String.prototype.startsWith). */
  predicate StartsWith(s: string, prefix: string)
  {
    |prefix| <= |s| && s[..|prefix|] == prefix
  }
}
