/** The record every layer stores, and lookup by key in a list of records. */
module Records {
  import opened Bytes

  const PUT_KV: byte := 0
  const PUT_VECTOR: byte := 1
  const DELETE: byte := 2

  datatype LogRecord = LogRecord(kind: byte, key: seq<byte>, value: seq<byte>, pointer: Option<seq<byte>>)

  /** The wire and arena layouts store only a pointer length, so an empty pointer reads back as none. */
  function Normalize(r: LogRecord): LogRecord
  {
    if r.pointer == Some([]) then r.(pointer := None) else r
  }

  function PointerBytes(r: LogRecord): seq<byte>
  {
    if r.pointer.Some? then r.pointer.value else []
  }
}
